/**
 Request coalescing of the browser client (browser/src/http.ts, `HttpRangeBuffer.flush`).

 Pending reads are sorted and merged greedily into ranges, subject to a limit on the length of a
 range and a limit on the bytes a range fetches that no read asked for.
 */
module Coalescing {
  import opened Sequences
  import opened Numbers
  import Sorting

  /** A pending read of [start, end); `ticket` stands for its resolve/reject pair. */
  datatype Read = Read(start: nat, end: nat, ticket: nat)

  datatype Limits = Limits(maxRangeBytes: nat, maxRangeGapBytes: nat)

  datatype CoalescedRange = CoalescedRange(start: nat, end: nat, gapBytes: nat, members: seq<Read>)

  predicate Before(a: Read, b: Read)
  {
    a.start < b.start || (a.start == b.start && a.end < b.end)
  }

  function SortReads(pending: seq<Read>): (r: seq<Read>)
    ensures multiset(r) == multiset(pending)
  {
    Sorting.Sort(pending, Before)
  }

  // ---------- what a request costs, independently of how it was assembled ----------

  ghost predicate SortedReads(s: seq<Read>)
  {
    forall i, j :: 0 <= i < j < |s| ==> s[i].start <= s[j].start
  }

  ghost predicate NonEmpty(s: seq<Read>)
  {
    forall i :: 0 <= i < |s| ==> s[i].start < s[i].end
  }

  /** What `slice` accepts: non-empty and within the client limit. */
  ghost predicate Accepted(s: seq<Read>, limits: Limits)
  {
    forall i :: 0 <= i < |s| ==> s[i].start < s[i].end && s[i].end - s[i].start <= limits.maxRangeBytes
  }

  predicate Covers(r: Read, p: int)
  {
    r.start <= p < r.end
  }

  ghost predicate Covered(group: seq<Read>, p: int)
  {
    exists i :: 0 <= i < |group| && Covers(group[i], p)
  }

  ghost function MaxEnd(group: seq<Read>): nat
    requires group != []
  {
    var n := |group| - 1;
    if n == 0 then group[0].end else Max(MaxEnd(group[..n]), group[n].end)
  }

  /** The byte positions a request for the group transfers although no read wants them. */
  ghost function Uncovered(group: seq<Read>): set<int>
    requires group != []
  {
    set p | group[0].start <= p < MaxEnd(group) && !Covered(group, p)
  }

  /** One request may serve the group: its span and its wasted bytes are within the limits. */
  ghost predicate Feasible(group: seq<Read>, limits: Limits)
  {
    && group != []
    && MaxEnd(group) - group[0].start <= limits.maxRangeBytes
    && |Uncovered(group)| <= limits.maxRangeGapBytes
  }

  /** A way to serve the sorted reads: consecutive groups, each servable by one request. */
  ghost predicate FeasibleCut(groups: seq<seq<Read>>, sorted: seq<Read>, limits: Limits)
  {
    && Flatten(groups) == sorted
    && forall k :: 0 <= k < |groups| ==> Feasible(groups[k], limits)
  }

  // ---------- the greedy loop ----------

  /** One iteration of the loop: extend the last range, or open a new one. */
  function Absorb(ranges: seq<CoalescedRange>, read: Read, limits: Limits): (r: seq<CoalescedRange>)
  {
    var single := CoalescedRange(read.start, read.end, 0, [read]);
    if ranges == [] then [single]
    else
      var n := |ranges| - 1;
      var previous := ranges[n];
      var gap := if read.start > previous.end then read.start - previous.end else 0;
      var mergedEnd := Max(previous.end, read.end);
      if previous.gapBytes + gap <= limits.maxRangeGapBytes
         && mergedEnd - previous.start <= limits.maxRangeBytes then
        ranges[n := CoalescedRange(previous.start, mergedEnd, previous.gapBytes + gap, previous.members + [read])]
      else
        ranges + [single]
  }

  function Coalesced(sorted: seq<Read>, limits: Limits): (r: seq<CoalescedRange>)
  {
    if sorted == [] then []
    else
      var n := |sorted| - 1;
      Absorb(Coalesced(sorted[..n], limits), sorted[n], limits)
  }

  ghost function Groups(ranges: seq<CoalescedRange>): (g: seq<seq<Read>>)
    ensures |g| == |ranges|
    ensures forall k :: 0 <= k < |g| ==> g[k] == ranges[k].members
  {
    seq(|ranges|, k requires 0 <= k < |ranges| => ranges[k].members)
  }

  /** The bookkeeping of a range is exact: `gapBytes` counts precisely its uncovered positions. */
  ghost predicate Exact(c: CoalescedRange)
  {
    && c.members != []
    && c.start == c.members[0].start
    && c.end == MaxEnd(c.members)
    && c.gapBytes == |Uncovered(c.members)|
  }

  /** The read opening group `k` ends after every read before it. */
  ghost predicate OpensLater(groups: seq<seq<Read>>, k: nat)
    requires k < |groups| && groups[k] != []
  {
    forall r :: r in Flatten(groups[..k]) ==> r.end <= groups[k][0].end
  }

  /** No group could have taken the read that opened the next one. */
  ghost predicate Saturated(groups: seq<seq<Read>>, k: nat, limits: Limits)
    requires k + 1 < |groups| && groups[k + 1] != []
  {
    !Feasible(groups[k] + [groups[k + 1][0]], limits)
  }

  ghost predicate Greedy(groups: seq<seq<Read>>, limits: Limits)
  {
    && (forall k :: 0 <= k < |groups| ==> Feasible(groups[k], limits))
    && (forall k :: 0 <= k < |groups| ==> OpensLater(groups, k))
    && (forall k :: 0 <= k < |groups| - 1 ==> Saturated(groups, k, limits))
  }

  // ---------- geometry of a group ----------

  lemma {:induction false} MaxEndAttained(group: seq<Read>)
    requires group != []
    ensures exists i :: 0 <= i < |group| && group[i].end == MaxEnd(group)
    ensures forall i :: 0 <= i < |group| ==> group[i].end <= MaxEnd(group)
  {
    var n := |group| - 1;
    if n == 0 {
      assert group[0].end == MaxEnd(group);
    } else {
      MaxEndAttained(group[..n]);
      var i :| 0 <= i < n && group[..n][i].end == MaxEnd(group[..n]);
      assert group[if group[n].end > group[i].end then n else i].end == MaxEnd(group);
      forall j | 0 <= j < n ensures group[j].end <= MaxEnd(group) {
        assert group[..n][j].end <= MaxEnd(group[..n]);
      }
    }
  }

  lemma MaxEndSnoc(group: seq<Read>, read: Read)
    requires group != []
    ensures MaxEnd(group + [read]) == Max(MaxEnd(group), read.end)
  {
    assert (group + [read])[..|group|] == group;
  }

  /** Appending a read adds exactly the hole in front of it to the uncovered bytes. */
  lemma {:induction false} UncoveredSnoc(group: seq<Read>, read: Read)
    requires group != [] && SortedReads(group + [read]) && NonEmpty(group + [read])
    ensures Uncovered(group + [read]) == Uncovered(group) + Interval(MaxEnd(group), read.start)
    ensures |Uncovered(group + [read])|
         == |Uncovered(group)| + (if read.start > MaxEnd(group) then read.start - MaxEnd(group) else 0)
  {
    var all, end := group + [read], MaxEnd(group);
    MaxEndSnoc(group, read);
    MaxEndAttained(group);
    var m :| 0 <= m < |group| && group[m].end == end;
    assert all[m].start <= all[|group|].start;
    forall p ensures Covered(all, p) <==> Covered(group, p) || Covers(read, p) {
      if Covered(group, p) {
        var i :| 0 <= i < |group| && Covers(group[i], p);
        assert Covers(all[i], p);
      }
      if Covers(read, p) { assert Covers(all[|group|], p); }
    }
    assert all[0] == group[0] && all[0].start < all[0].end <= end;
    assert all[|group|] == read;
    forall p | read.start <= p < end ensures Covered(group, p) {
      assert Covers(group[m], p);
    }
    SplitUncovered(group, read);
    IntervalCardinality(end, read.start);
  }

  lemma SplitUncovered(group: seq<Read>, read: Read)
    requires group != [] && group[0].start < MaxEnd(group) && group[0].start <= read.start < read.end
    requires MaxEnd(group + [read]) == Max(MaxEnd(group), read.end)
    requires forall p :: Covered(group + [read], p) <==> Covered(group, p) || Covers(read, p)
    requires forall p :: p >= MaxEnd(group) ==> !Covered(group, p)
    requires forall p :: read.start <= p < MaxEnd(group) ==> Covered(group, p)
    ensures Uncovered(group + [read]) == Uncovered(group) + Interval(MaxEnd(group), read.start)
    ensures Uncovered(group) !! Interval(MaxEnd(group), read.start)
  {
    hide MaxEnd, Covered;
    var all, end := group + [read], MaxEnd(group);
    assert all[0] == group[0];
    forall p ensures p in Uncovered(all) <==> p in Uncovered(group) || p in Interval(end, read.start) {
      assert Covers(read, p) <==> read.start <= p < read.end;
    }
  }

  lemma {:induction false} FeasiblePrefix(group: seq<Read>, k: nat, limits: Limits)
    requires SortedReads(group) && Accepted(group, limits) && Feasible(group, limits)
    requires 0 < k <= |group|
    ensures Feasible(group[..k], limits)
    decreases |group|
  {
    hide MaxEnd, Uncovered;
    var n := |group| - 1;
    if k <= n {
      var init := group[..n];
      assert group == init + [group[n]];
      MaxEndSnoc(init, group[n]);
      UncoveredSnoc(init, group[n]);
      FeasiblePrefix(init, k, limits);
      assert init[..k] == group[..k];
    } else {
      assert group[..k] == group;
    }
  }

  /** A suffix may waste more than the whole, unless its first read ends last so far. */
  lemma FeasibleSuffix(group: seq<Read>, k: nat, limits: Limits)
    requires SortedReads(group) && Feasible(group, limits)
    requires k < |group|
    requires forall i :: 0 <= i < k ==> group[i].end <= group[k].end
    ensures Feasible(group[k..], limits)
  {
    var tail := group[k..];
    MaxEndAttained(group);
    MaxEndAttained(tail);
    var m :| 0 <= m < |tail| && tail[m].end == MaxEnd(tail);
    assert group[k + m].end <= MaxEnd(group);
    assert k > 0 ==> group[0].start <= group[k].start;
    forall p | group[k].start <= p && Covered(group, p) ensures Covered(tail, p) {
      var i :| 0 <= i < |group| && Covers(group[i], p);
      assert Covers(tail[if i < k then 0 else i - k], p);
    }
    assert Uncovered(tail) <= Uncovered(group);
    SubsetCardinality(Uncovered(tail), Uncovered(group));
  }

  // ---------- the greedy loop keeps its books exactly ----------

  lemma SingletonRange(read: Read, limits: Limits)
    requires read.start < read.end && read.end - read.start <= limits.maxRangeBytes
    ensures Exact(CoalescedRange(read.start, read.end, 0, [read]))
    ensures Feasible([read], limits)
  {
    forall p | read.start <= p < read.end ensures Covered([read], p) {
      assert Covers([read][0], p);
    }
    assert Uncovered([read]) == {};
  }

  /** Extending a range keeps its books exact, and the loop extends it exactly when it may. */
  lemma ExtendRange(c: CoalescedRange, read: Read, limits: Limits)
    requires Exact(c) && SortedReads(c.members + [read]) && NonEmpty(c.members + [read])
    ensures var gap := if read.start > c.end then read.start - c.end else 0;
            var merged := CoalescedRange(c.start, Max(c.end, read.end), c.gapBytes + gap, c.members + [read]);
            && Exact(merged)
            && (Feasible(merged.members, limits) <==>
                c.gapBytes + gap <= limits.maxRangeGapBytes
                && Max(c.end, read.end) - c.start <= limits.maxRangeBytes)
  {
    MaxEndSnoc(c.members, read);
    UncoveredSnoc(c.members, read);
  }

  ghost predicate Sound(ranges: seq<CoalescedRange>, sorted: seq<Read>, limits: Limits)
  {
    && (forall k :: 0 <= k < |ranges| ==> Exact(ranges[k]))
    && FeasibleCut(Groups(ranges), sorted, limits)
    && Greedy(Groups(ranges), limits)
  }

  lemma AllEndWithin(earlier: seq<Read>, last: seq<Read>)
    requires last != []
    requires forall r :: r in earlier ==> r.end <= last[0].end
    ensures forall r :: r in earlier + last ==> r.end <= MaxEnd(last)
  {
    MaxEndAttained(last);
  }

  lemma GreedyExtends(groups: seq<seq<Read>>, read: Read, limits: Limits)
    requires groups != [] && Greedy(groups, limits) && Feasible(groups[|groups| - 1] + [read], limits)
    ensures var n := |groups| - 1; Greedy(groups[..n] + [groups[n] + [read]], limits)
  {
    hide Feasible, Flatten;
    NonEmptyGroups(groups, limits);
    var n := |groups| - 1;
    var after := groups[..n] + [groups[n] + [read]];
    forall k | 0 <= k < |after| ensures after[k] != [] && OpensLater(after, k) {
      assert OpensLater(groups, k);
      assert after[..k] == groups[..k];
    }
    forall k | 0 <= k < |after| - 1 ensures Saturated(after, k, limits) {
      assert Saturated(groups, k, limits);
    }
  }

  lemma {:induction false} GreedyOpens(groups: seq<seq<Read>>, read: Read, limits: Limits)
    requires Greedy(groups, limits) && Feasible([read], limits)
    requires groups != [] ==> !Feasible(groups[|groups| - 1] + [read], limits)
    requires forall r :: r in Flatten(groups) ==> r.end <= read.end
    ensures Greedy(groups + [[read]], limits)
  {
    hide Feasible, OpensLater, Saturated, Flatten;
    NonEmptyGroups(groups, limits);
    var n, after := |groups|, groups + [[read]];
    forall k | 0 <= k < |after| ensures after[k] != [] && OpensLater(after, k) {
      NewOpensLater(groups, read, k);
    }
    forall k | 0 <= k < |after| - 1 ensures Saturated(after, k, limits) {
      NewSaturated(groups, read, k, limits);
    }
  }

  lemma {:induction false} NewOpensLater(groups: seq<seq<Read>>, read: Read, k: nat)
    requires k <= |groups| && (k < |groups| ==> groups[k] != [] && OpensLater(groups, k))
    requires k == |groups| ==> forall r :: r in Flatten(groups) ==> r.end <= read.end
    ensures OpensLater(groups + [[read]], k)
  {
    hide Flatten;
    assert (groups + [[read]])[..k] == if k < |groups| then groups[..k] else groups;
  }

  lemma NewSaturated(groups: seq<seq<Read>>, read: Read, k: nat, limits: Limits)
    requires k < |groups| && (k + 1 < |groups| ==> groups[k + 1] != [] && Saturated(groups, k, limits))
    requires k + 1 == |groups| ==> !Feasible(groups[k] + [read], limits)
    ensures Saturated(groups + [[read]], k, limits)
  {
    hide Feasible;
  }

  lemma NonEmptyGroups(groups: seq<seq<Read>>, limits: Limits)
    requires forall k :: 0 <= k < |groups| ==> Feasible(groups[k], limits)
    ensures forall k :: 0 <= k < |groups| ==> groups[k] != []
  {
  }

  /** The last range, extended by one read, in place of the last one. */
  lemma AbsorbExtends(ranges: seq<CoalescedRange>, sorted: seq<Read>, read: Read, limits: Limits)
    requires Sound(ranges, sorted, limits) && SortedReads(sorted + [read]) && Accepted(sorted + [read], limits)
    requires ranges != [] && Feasible(ranges[|ranges| - 1].members + [read], limits)
    ensures Sound(Absorb(ranges, read, limits), sorted + [read], limits)
  {
    hide Exact, Feasible, Greedy, Flatten, SortedReads;
    var n, groups := |ranges| - 1, Groups(ranges);
    AcceptedNonEmpty(sorted + [read], limits);
    LastGroupSorted(groups, sorted, read);
    ExtendRange(ranges[n], read, limits);
    GreedyExtends(groups, read, limits);
    assert Groups(Absorb(ranges, read, limits)) == groups[..n] + [groups[n] + [read]];
    assert groups == groups[..n] + [groups[n]];
    FlattenSnoc(groups[..n], groups[n]);
    FlattenSnoc(groups[..n], groups[n] + [read]);
  }

  lemma AcceptedNonEmpty(s: seq<Read>, limits: Limits)
    requires Accepted(s, limits)
    ensures NonEmpty(s)
  {
  }

  lemma LastGroupSorted(groups: seq<seq<Read>>, sorted: seq<Read>, read: Read)
    requires groups != [] && Flatten(groups) == sorted && SortedReads(sorted + [read])
    requires NonEmpty(sorted + [read])
    ensures SortedReads(groups[|groups| - 1] + [read]) && NonEmpty(groups[|groups| - 1] + [read])
  {
    hide Flatten, SortedReads, NonEmpty;
    var n := |groups| - 1;
    assert groups == groups[..n] + [groups[n]];
    FlattenSnoc(groups[..n], groups[n]);
    var at := |Flatten(groups[..n])|;
    assert groups[n] + [read] == (sorted + [read])[at..];
    SortedSuffix(sorted + [read], at);
  }

  lemma SortedSuffix(s: seq<Read>, at: nat)
    requires at <= |s| && SortedReads(s) && NonEmpty(s)
    ensures SortedReads(s[at..]) && NonEmpty(s[at..])
  {
  }

  lemma AbsorbOpens(ranges: seq<CoalescedRange>, sorted: seq<Read>, read: Read, limits: Limits)
    requires Sound(ranges, sorted, limits) && SortedReads(sorted + [read]) && Accepted(sorted + [read], limits)
    requires ranges == [] || !Feasible(ranges[|ranges| - 1].members + [read], limits)
    ensures Sound(Absorb(ranges, read, limits), sorted + [read], limits)
  {
    hide Exact, Feasible, Greedy, Flatten, SortedReads;
    var groups := Groups(ranges);
    assert (sorted + [read])[|sorted|] == read;
    SingletonRange(read, limits);
    AcceptedNonEmpty(sorted + [read], limits);
    OpensBehind(ranges, sorted, read, limits);
    GreedyOpens(groups, read, limits);
    assert Groups(Absorb(ranges, read, limits)) == groups + [[read]];
    FlattenSnoc(groups, [read]);
  }

  /** A read that opens a range ends after every earlier one: otherwise merging it would have been free. */
  lemma OpensBehind(ranges: seq<CoalescedRange>, sorted: seq<Read>, read: Read, limits: Limits)
    requires Sound(ranges, sorted, limits) && SortedReads(sorted + [read]) && NonEmpty(sorted + [read])
    requires ranges == [] || !Feasible(ranges[|ranges| - 1].members + [read], limits)
    ensures Absorb(ranges, read, limits) == ranges + [CoalescedRange(read.start, read.end, 0, [read])]
    ensures forall r :: r in sorted ==> r.end <= read.end
  {
    hide MaxEnd, Uncovered, SortedReads;
    assert (sorted + [read])[|sorted|] == read;
    if ranges == [] {
      assert Groups(ranges) == [];
    } else {
      var n, groups := |ranges| - 1, Groups(ranges);
      LastGroupSorted(groups, sorted, read);
      ExtendRange(ranges[n], read, limits);
      assert Feasible(groups[n], limits) && Exact(ranges[n]);
      assert ranges[n].end < read.end;
      assert groups == groups[..n] + [groups[n]];
      FlattenSnoc(groups[..n], groups[n]);
      assert OpensLater(groups, n);
      AllEndWithin(Flatten(groups[..n]), groups[n]);
      assert sorted == Flatten(groups[..n]) + groups[n];
    }
  }

  /**
   `gapBytes` of every issued range is the exact number of its uncovered positions, both limits
   hold, and the groups concatenated are the sorted reads.
   */
  lemma {:induction false} CoalescedSound(sorted: seq<Read>, limits: Limits)
    requires SortedReads(sorted) && Accepted(sorted, limits)
    ensures Sound(Coalesced(sorted, limits), sorted, limits)
  {
    if sorted == [] {
      assert Groups([]) == [];
    } else {
      var n := |sorted| - 1;
      var init := sorted[..n];
      CoalescedSound(init, limits);
      assert sorted == init + [sorted[n]];
      var ranges := Coalesced(init, limits);
      if ranges != [] && Feasible(ranges[|ranges| - 1].members + [sorted[n]], limits) {
        AbsorbExtends(ranges, init, sorted[n], limits);
      } else {
        AbsorbOpens(ranges, init, sorted[n], limits);
      }
    }
  }

  // ---------- optimality ----------

  ghost function Cut<T>(groups: seq<seq<T>>, k: nat): nat
    requires k <= |groups|
  {
    |Flatten(groups[..k])|
  }

  lemma WholeCut<T>(groups: seq<seq<T>>, k: nat)
    requires k <= |groups|
    ensures k == |groups| ==> Cut(groups, k) == |Flatten(groups)|
  {
    assert groups[..|groups|] == groups;
  }

  /** After any number of groups, the greedy cut is at least as far along as any other. */
  lemma {:induction false} StaysAhead(greedy: seq<seq<Read>>, other: seq<seq<Read>>, sorted: seq<Read>, limits: Limits, k: nat)
    requires SortedReads(sorted) && Accepted(sorted, limits)
    requires FeasibleCut(greedy, sorted, limits) && Greedy(greedy, limits)
    requires FeasibleCut(other, sorted, limits)
    requires k <= |greedy| && k <= |other|
    ensures Cut(other, k) <= Cut(greedy, k)
  {
    hide MaxEnd, Uncovered, SortedReads, Accepted, Flatten;
    if k > 0 {
      StaysAhead(greedy, other, sorted, limits, k - 1);
      FlattenSlice(greedy, k - 1);
      FlattenSlice(other, k - 1);
      var a, a' := Cut(greedy, k - 1), Cut(greedy, k);
      var b, b' := Cut(other, k - 1), Cut(other, k);
      if a' < b' {
        WholeCut(greedy, k);
        OpensLaterAt(greedy, sorted, k - 1);
        OpensLaterAt(greedy, sorted, k);
        assert sorted[a..a' + 1] == sorted[a..a'] + [sorted[a']];
        assert Saturated(greedy, k - 1, limits);
        InnerRunFeasible(sorted, limits, b, a, a' + 1, b');
        assert false;
      }
    }
  }

  lemma {:induction false} OpensLaterAt(greedy: seq<seq<Read>>, sorted: seq<Read>, k: nat)
    requires k < |greedy| && greedy[k] != [] && Flatten(greedy) == sorted && OpensLater(greedy, k)
    ensures Cut(greedy, k) < |sorted| && sorted[Cut(greedy, k)] == greedy[k][0]
    ensures forall i :: 0 <= i < Cut(greedy, k) ==> sorted[i].end <= sorted[Cut(greedy, k)].end
  {
    hide Flatten;
    FlattenSlice(greedy, k);
    FlattenPrefix(greedy, k);
    var a := Cut(greedy, k);
    assert sorted[a] == greedy[k][0];
    forall i | 0 <= i < a ensures sorted[i].end <= sorted[a].end {
      assert sorted[i] == Flatten(greedy[..k])[i];
    }
  }

  /** If [b, b') is servable and read `a` ends last so far, every range from `a` inside it is servable. */
  lemma InnerRunFeasible(sorted: seq<Read>, limits: Limits, b: nat, a: nat, c: nat, b': nat)
    requires SortedReads(sorted) && Accepted(sorted, limits)
    requires b <= a < c <= b' <= |sorted|
    requires Feasible(sorted[b..b'], limits)
    requires forall i :: 0 <= i < a ==> sorted[i].end <= sorted[a].end
    ensures Feasible(sorted[a..c], limits)
  {
    hide Feasible, SortedReads, Accepted;
    SortedSlice(sorted, limits, b, b');
    SortedSlice(sorted, limits, a, b');
    forall i | 0 <= i < a - b ensures sorted[b..b'][i].end <= sorted[b..b'][a - b].end {
      assert sorted[b..b'][i] == sorted[b + i];
    }
    FeasibleSuffix(sorted[b..b'], a - b, limits);
    SliceOfSlice(sorted, b, b', a, b');
    assert sorted[b..b'][a - b..] == sorted[b..b'][a - b..b' - b];
    FeasiblePrefix(sorted[a..b'], c - a, limits);
    SliceOfSlice(sorted, a, b', a, c);
  }

  lemma SortedSlice(sorted: seq<Read>, limits: Limits, lo: nat, hi: nat)
    requires SortedReads(sorted) && Accepted(sorted, limits) && lo <= hi <= |sorted|
    ensures SortedReads(sorted[lo..hi]) && Accepted(sorted[lo..hi], limits)
  {
  }

  // ---------- any assignment of reads to requests ----------

  /** A request for [lo, hi) that serves some of the reads, not necessarily neighbours. */
  datatype Fetch = Fetch(lo: nat, hi: nat, members: set<Read>)

  /** The bytes a request transfers although none of its reads wants them. */
  ghost function Waste(f: Fetch): set<int>
  {
    set p | f.lo <= p < f.hi && !Wanted(f.members, p)
  }

  ghost predicate Wanted(members: set<Read>, p: int)
  {
    exists r :: r in members && Covers(r, p)
  }

  /** The request contains its reads and keeps both limits. */
  ghost predicate Servable(f: Fetch, sorted: seq<Read>, limits: Limits)
  {
    && (forall r :: r in f.members ==> r in sorted && f.lo <= r.start && r.end <= f.hi)
    && f.hi - f.lo <= limits.maxRangeBytes
    && |Waste(f)| <= limits.maxRangeGapBytes
  }

  /** Requests that keep the limits and together serve every read, grouped in any way. */
  ghost predicate Plan(plan: seq<Fetch>, sorted: seq<Read>, limits: Limits)
  {
    && (forall k :: 0 <= k < |plan| ==> Servable(plan[k], sorted, limits))
    && (forall r :: r in sorted ==> Served(plan, r))
  }

  ghost predicate Served(plan: seq<Fetch>, r: Read)
  {
    exists k :: 0 <= k < |plan| && r in plan[k].members
  }

  /** What a read of an earlier or later group covers of the span up to the next opener is covered there. */
  lemma OutsidersAddNothing(greedy: seq<seq<Read>>, sorted: seq<Read>, limits: Limits, i: nat, r: Read, p: int)
    requires SortedReads(sorted) && Flatten(greedy) == sorted && Greedy(greedy, limits) && i + 1 < |greedy|
    requires greedy[i] != [] && greedy[i + 1] != []
    requires r in sorted && Covers(r, p) && greedy[i][0].start <= p < greedy[i + 1][0].end
    ensures Covered(greedy[i] + [greedy[i + 1][0]], p)
  {
    hide Flatten, Feasible, SortedReads;
    var opener, next, group := greedy[i][0], greedy[i + 1][0], greedy[i] + [greedy[i + 1][0]];
    assert greedy == greedy[..i] + [greedy[i]] + greedy[i + 1..];
    FlattenAppend(greedy[..i] + [greedy[i]], greedy[i + 1..]);
    FlattenSnoc(greedy[..i], greedy[i]);
    var before, later := Flatten(greedy[..i]), Flatten(greedy[i + 1..]);
    assert sorted == before + greedy[i] + later;
    if r in before {
      assert OpensLater(greedy, i);
      assert Covers(group[0], p);
    } else if r in greedy[i] {
      var k :| 0 <= k < |greedy[i]| && greedy[i][k] == r;
      assert Covers(group[k], p);
    } else {
      FirstOfLater(sorted, |before| + |greedy[i]|, greedy[i + 1..], r);
      assert Covers(group[|greedy[i]|], p);
    }
  }

  lemma FirstOfLater(sorted: seq<Read>, at: nat, later: seq<seq<Read>>, r: Read)
    requires SortedReads(sorted) && at <= |sorted| && sorted[at..] == Flatten(later)
    requires later != [] && later[0] != [] && r in Flatten(later)
    ensures later[0][0].start <= r.start
  {
    assert Flatten(later)[0] == later[0][0];
    var k :| 0 <= k < |Flatten(later)| && Flatten(later)[k] == r;
    assert sorted[at + k] == r && sorted[at] == later[0][0];
  }

  /** One request cannot serve two reads that open greedy groups. */
  lemma NoFetchForTwoOpeners(greedy: seq<seq<Read>>, sorted: seq<Read>, limits: Limits, f: Fetch, i: nat, j: nat)
    requires SortedReads(sorted) && Flatten(greedy) == sorted && Greedy(greedy, limits) && Servable(f, sorted, limits)
    requires i < j < |greedy| && greedy[i] != [] && greedy[j] != []
    ensures !(greedy[i][0] in f.members && greedy[j][0] in f.members)
  {
    if greedy[i][0] in f.members && greedy[j][0] in f.members {
      assert Saturated(greedy, i, limits) by { NonEmptyGroups(greedy, limits); }
      TwoOpenersFeasible(greedy, sorted, limits, f, i, j);
      assert false;
    }
  }

  /** If one request serves two openers, the group of the first could have taken the next opener. */
  lemma TwoOpenersFeasible(greedy: seq<seq<Read>>, sorted: seq<Read>, limits: Limits, f: Fetch, i: nat, j: nat)
    requires SortedReads(sorted) && Flatten(greedy) == sorted && Greedy(greedy, limits) && Servable(f, sorted, limits)
    requires i < j < |greedy| && greedy[i] != [] && greedy[i + 1] != [] && greedy[j] != []
    requires greedy[i][0] in f.members && greedy[j][0] in f.members
    ensures Feasible(greedy[i] + [greedy[i + 1][0]], limits)
  {
    hide Flatten, SortedReads, Servable, MaxEnd, Wanted, Covers;
    var next := greedy[i + 1][0];
    var group := greedy[i] + [next];
    EndOfNext(greedy, limits, i);
    EndsInOrder(greedy, limits, i + 1, j);
    ServableBounds(f, sorted, limits, greedy[i][0], greedy[j][0]);
    assert group[0] == greedy[i][0];
    forall p | p in Uncovered(group) ensures p in Waste(f) {
      if Wanted(f.members, p) {
        WantedRead(f, sorted, limits, p, greedy, i);
        assert false;
      }
    }
    SubsetCardinality(Uncovered(group), Waste(f));
  }

  lemma WantedRead(f: Fetch, sorted: seq<Read>, limits: Limits, p: int, greedy: seq<seq<Read>>, i: nat)
    requires SortedReads(sorted) && Flatten(greedy) == sorted && Greedy(greedy, limits) && Servable(f, sorted, limits)
    requires i + 1 < |greedy| && greedy[i] != [] && greedy[i + 1] != []
    requires Wanted(f.members, p) && greedy[i][0].start <= p < greedy[i + 1][0].end
    ensures Covered(greedy[i] + [greedy[i + 1][0]], p)
  {
    hide Flatten, SortedReads, Covers, Greedy, Waste;
    var r :| r in f.members && Covers(r, p);
    OutsidersAddNothing(greedy, sorted, limits, i, r, p);
  }

  lemma ServableBounds(f: Fetch, sorted: seq<Read>, limits: Limits, first: Read, last: Read)
    requires Servable(f, sorted, limits) && first in f.members && last in f.members
    ensures f.lo <= first.start && last.end <= f.hi
    ensures f.hi - f.lo <= limits.maxRangeBytes && |Waste(f)| <= limits.maxRangeGapBytes
  {
  }

  /** A group followed by the next opener ends with that opener. */
  lemma EndOfNext(greedy: seq<seq<Read>>, limits: Limits, i: nat)
    requires Greedy(greedy, limits) && i + 1 < |greedy| && greedy[i] != [] && greedy[i + 1] != []
    ensures MaxEnd(greedy[i] + [greedy[i + 1][0]]) == greedy[i + 1][0].end
  {
    hide Flatten, Feasible, MaxEnd;
    assert OpensLater(greedy, i + 1);
    assert greedy[..i + 1] == greedy[..i] + [greedy[i]];
    FlattenSnoc(greedy[..i], greedy[i]);
    MaxEndSnoc(greedy[i], greedy[i + 1][0]);
    MaxEndAttained(greedy[i]);
    var m :| 0 <= m < |greedy[i]| && greedy[i][m].end == MaxEnd(greedy[i]);
    assert greedy[i][m] in Flatten(greedy[..i + 1]);
  }

  lemma EndsInOrder(greedy: seq<seq<Read>>, limits: Limits, i: nat, j: nat)
    requires Greedy(greedy, limits) && i <= j < |greedy| && greedy[i] != [] && greedy[j] != []
    ensures greedy[i][0].end <= greedy[j][0].end
  {
    hide Flatten, Feasible;
    if i < j {
      assert OpensLater(greedy, j);
      assert greedy[..j] == greedy[..i] + [greedy[i]] + greedy[i + 1..j];
      FlattenAppend(greedy[..i] + [greedy[i]], greedy[i + 1..j]);
      FlattenSnoc(greedy[..i], greedy[i]);
      assert greedy[i][0] in Flatten(greedy[..j]);
    }
  }

  /**
   Greedy coalescing issues the fewest requests of all plans, whether or not their groups are
   neighbours: each opener of a greedy group needs a request of its own.
   */
  lemma GreedyIsOptimal(greedy: seq<seq<Read>>, plan: seq<Fetch>, sorted: seq<Read>, limits: Limits)
    requires SortedReads(sorted)
    requires FeasibleCut(greedy, sorted, limits) && Greedy(greedy, limits)
    requires Plan(plan, sorted, limits)
    ensures |greedy| <= |plan|
  {
    hide Flatten, SortedReads, Greedy, Servable, Feasible, Distinct, Elements, Interval;
    NonEmptyGroups(greedy, limits);
    var servers := OpenerServers(greedy, plan, sorted, limits, |greedy|);
    ServersDistinct(greedy, plan, sorted, limits, servers);
    ElementsCardinality(servers);
    IntervalCardinality(0, |plan|);
    WithinInterval(servers, |plan|);
    SubsetCardinality(Elements(servers), Interval(0, |plan|));
  }

  lemma ServersDistinct(greedy: seq<seq<Read>>, plan: seq<Fetch>, sorted: seq<Read>, limits: Limits, servers: seq<int>)
    requires SortedReads(sorted) && Flatten(greedy) == sorted && Greedy(greedy, limits) && Plan(plan, sorted, limits)
    requires |servers| == |greedy| && forall k :: 0 <= k < |greedy| ==> greedy[k] != []
    requires forall i :: 0 <= i < |greedy| ==> 0 <= servers[i] < |plan| && greedy[i][0] in plan[servers[i]].members
    ensures Distinct(servers)
  {
    hide Flatten, SortedReads, Greedy, Servable;
    forall i, j | 0 <= i < j < |servers| ensures servers[i] != servers[j] {
      NoFetchForTwoOpeners(greedy, sorted, limits, plan[servers[i]], i, j);
    }
  }

  lemma WithinInterval(servers: seq<int>, n: nat)
    requires forall i :: 0 <= i < |servers| ==> 0 <= servers[i] < n
    ensures Elements(servers) <= Interval(0, n)
  {
  }

  /** For each of the first `n` openers, a request that serves it. */
  lemma {:induction false} OpenerServers(greedy: seq<seq<Read>>, plan: seq<Fetch>, sorted: seq<Read>, limits: Limits, n: nat)
    returns (servers: seq<int>)
    requires n <= |greedy| && Flatten(greedy) == sorted && Plan(plan, sorted, limits)
    requires forall k :: 0 <= k < |greedy| ==> greedy[k] != []
    ensures |servers| == n
    ensures forall i :: 0 <= i < n ==> 0 <= servers[i] < |plan| && greedy[i][0] in plan[servers[i]].members
  {
    hide Flatten, Servable;
    servers := [];
    if n > 0 {
      var rest := OpenerServers(greedy, plan, sorted, limits, n - 1);
      OpenerInSorted(greedy, n - 1);
      assert Served(plan, greedy[n - 1][0]);
      var k :| 0 <= k < |plan| && greedy[n - 1][0] in plan[k].members;
      servers := rest + [k];
    }
  }

  lemma OpenerInSorted(greedy: seq<seq<Read>>, k: nat)
    requires k < |greedy| && greedy[k] != []
    ensures greedy[k][0] in Flatten(greedy)
  {
    hide Flatten;
    FlattenSlice(greedy, k);
    assert greedy[k][0] == Flatten(greedy)[|Flatten(greedy[..k])|];
  }

  /** Cuts into consecutive groups are plans, so they need no fewer requests either. */
  lemma CutIsPlan(cut: seq<seq<Read>>, sorted: seq<Read>, limits: Limits) returns (plan: seq<Fetch>)
    requires SortedReads(sorted) && FeasibleCut(cut, sorted, limits)
    ensures |plan| == |cut| && Plan(plan, sorted, limits)
  {
    hide Flatten, Feasible, SortedReads, MaxEnd, Waste;
    NonEmptyGroups(cut, limits);
    plan := seq(|cut|, k requires 0 <= k < |cut| => FetchOf(cut[k]));
    forall k | 0 <= k < |plan| ensures Servable(plan[k], sorted, limits) {
      GroupServable(cut, sorted, limits, k);
    }
    forall r | r in sorted ensures Served(plan, r) {
      var k := GroupOf(cut, r);
      assert r in plan[k].members;
    }
  }

  ghost function FetchOf(group: seq<Read>): Fetch
  {
    if group == [] then Fetch(0, 0, {}) else Fetch(group[0].start, MaxEnd(group), set r | r in group)
  }

  lemma GroupServable(cut: seq<seq<Read>>, sorted: seq<Read>, limits: Limits, k: nat)
    requires SortedReads(sorted) && FeasibleCut(cut, sorted, limits) && k < |cut| && cut[k] != []
    ensures Servable(FetchOf(cut[k]), sorted, limits)
  {
    hide Flatten, MaxEnd;
    var group := cut[k];
    assert Feasible(group, limits);
    FlattenSlice(cut, k);
    var at := |Flatten(cut[..k])|;
    MaxEndAttained(group);
    forall i | 0 <= i < |group| ensures group[i] in sorted && group[0].start <= group[i].start {
      assert group[i] == sorted[at + i] && group[0] == sorted[at];
    }
    forall p ensures Wanted(FetchOf(group).members, p) <==> Covered(group, p) {
      if Covered(group, p) {
        var i :| 0 <= i < |group| && Covers(group[i], p);
        assert group[i] in FetchOf(group).members;
      }
    }
    assert Waste(FetchOf(group)) == Uncovered(group);
  }

  lemma {:induction false} GroupOf(cut: seq<seq<Read>>, r: Read) returns (k: nat)
    requires r in Flatten(cut)
    ensures k < |cut| && r in cut[k]
  {
    if r in cut[0] {
      k := 0;
    } else {
      var rest := GroupOf(cut[1..], r);
      k := rest + 1;
    }
  }

  ghost predicate FewestRequests(ranges: seq<CoalescedRange>, sorted: seq<Read>, limits: Limits)
  {
    && (forall plan :: Plan(plan, sorted, limits) ==> |ranges| <= |plan|)
    && (forall cut :: FeasibleCut(cut, sorted, limits) ==> |ranges| <= |cut|)
  }

  lemma CoalescedIsOptimal(sorted: seq<Read>, limits: Limits)
    requires SortedReads(sorted) && Sound(Coalesced(sorted, limits), sorted, limits)
    ensures FewestRequests(Coalesced(sorted, limits), sorted, limits)
  {
    hide Coalesced, SortedReads, Plan;
    var ranges := Coalesced(sorted, limits);
    forall plan | Plan(plan, sorted, limits) ensures |ranges| <= |plan| {
      GreedyIsOptimal(Groups(ranges), plan, sorted, limits);
    }
    forall cut | FeasibleCut(cut, sorted, limits) ensures |ranges| <= |cut| {
      var plan := CutIsPlan(cut, sorted, limits);
    }
  }

  /** The reads are in order of their starts, and reads with one start in order of their ends. */
  lemma SortedByComparator(pending: seq<Read>)
    ensures SortedReads(SortReads(pending))
    ensures var s := SortReads(pending);
            forall i, j :: 0 <= i < j < |s| && s[i].start == s[j].start ==> s[i].end <= s[j].end
  {
    Sorting.SortOrdered(pending, Before);
    var s := SortReads(pending);
    forall i, j | 0 <= i < j < |s| ensures s[i].start <= s[j].start {
      assert !Before(s[j], s[i]);
    }
  }

  /** The merging part of `flush`, on the pending reads of one timer tick. */
  method Flush(pending: seq<Read>, limits: Limits) returns (ranges: seq<CoalescedRange>)
    requires Accepted(pending, limits)
    ensures ranges == Coalesced(SortReads(pending), limits)
    ensures Sound(ranges, SortReads(pending), limits)
    ensures FewestRequests(ranges, SortReads(pending), limits)
  {
    var sorted := SortReads(pending);
    ranges := [];
    for i := 0 to |sorted|
      invariant ranges == Coalesced(sorted[..i], limits)
    {
      assert sorted[..i + 1][..i] == sorted[..i];
      ranges := Absorb(ranges, sorted[i], limits);
    }
    assert sorted[..|sorted|] == sorted;
    SortedByComparator(pending);
    forall i | 0 <= i < |sorted| ensures sorted[i] in pending {
      Sorting.SortMembers(pending, Before, sorted[i]);
    }
    CoalescedSound(sorted, limits);
    CoalescedIsOptimal(sorted, limits);
  }
}
