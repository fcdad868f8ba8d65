/**
 Coalescing and caching refine a plain read: over every interleaving, every accepted slice is
 answered exactly once, with exactly its bytes or with the error of the load it awaited, and once
 slices stop the client comes to rest within a bounded number of events.
 */
module RangeClientRuns {
  import opened Wrappers
  import opened Sequences
  import opened Numbers
  import opened Bags
  import opened Coalescing
  import opened RangeClient
  import RangeCache
  import Runs = RangeCacheRuns

  // ---------- where every ticket is ----------

  ghost function TicketOf(r: Read): multiset<nat> { multiset{r.ticket} }

  ghost function TicketsIn(batch: seq<Read>): multiset<nat> { Bag(batch, TicketOf) }

  ghost function BufferTickets(b: Buffer): multiset<nat> { TicketsIn(b.pending) }

  ghost function WaiterTickets(w: Waiter): multiset<nat> { TicketsIn(w.range.members) }

  ghost function ReplyTicket(r: Reply): multiset<nat> { multiset{r.ticket} }

  ghost function Pending(s: System): multiset<nat> { Bag(s.buffers, BufferTickets) }

  ghost function Waiting(s: System): multiset<nat> { Bag(s.waiters, WaiterTickets) }

  ghost function Answered(s: System): multiset<nat> { Bag(s.replies, ReplyTicket) }

  /** Each ticket handed out is in exactly one place: pending, waiting, or answered. */
  ghost predicate Conserved(s: System)
  {
    Pending(s) + Waiting(s) + Answered(s) == UpTo(|s.requests|)
  }

  // ---------- what each place holds ----------

  ghost predicate Asked(requests: seq<Request>, key: ObjectKey, r: Read)
  {
    r.ticket < |requests| && requests[r.ticket] == Request(key, r.start, r.end)
  }

  ghost predicate BufferOk(b: Buffer, requests: seq<Request>, store: Store)
  {
    && b.key in store && |store[b.key]| == b.key.size
    && (b.pending != [] <==> b.flushScheduled)
    && forall i :: 0 <= i < |b.pending| ==>
         && Asked(requests, b.key, b.pending[i])
         && b.pending[i].start < b.pending[i].end <= b.key.size
         && b.pending[i].end - b.pending[i].start <= b.maxRangeBytes
  }

  ghost predicate LoadOk(l: Load, store: Store)
  {
    && l.key in store && l.start <= l.end <= |store[l.key]|
    && (l.outcome.Some? && l.outcome.value.Ok? ==> l.outcome.value.value == store[l.key][l.start..l.end])
  }

  /** The awaited load covers the range, and the range covers each of its reads. */
  ghost predicate WaiterOk(w: Waiter, promises: seq<Load>, requests: seq<Request>)
  {
    && w.promise < |promises|
    && promises[w.promise].start == w.base <= w.range.start
    && w.range.start <= w.range.end <= promises[w.promise].end
    && forall i :: 0 <= i < |w.range.members| ==>
         && Asked(requests, promises[w.promise].key, w.range.members[i])
         && w.range.start <= w.range.members[i].start <= w.range.members[i].end <= w.range.end
  }

  ghost predicate EntryOk(e: RangeCache.Entry, promises: seq<Load>)
  {
    && e.bytes < |promises|
    && promises[e.bytes].key == e.key && promises[e.bytes].start == e.start && promises[e.bytes].end == e.end
  }

  /** The load awaited for a request covers it, and has finished. */
  ghost predicate Served(promises: seq<Load>, request: Request, p: nat)
  {
    && p < |promises| && promises[p].outcome.Some?
    && promises[p].key == request.key && promises[p].start <= request.start && request.end <= promises[p].end
  }

  /**
   A reply settles as the load its caller awaited: with the plain read of its request if the load
   succeeded, with the error of that load if it failed. A read never issued reports the gap option.
   */
  ghost predicate ReplyOk(r: Reply, s: System, store: Store)
  {
    && r.ticket < |s.requests|
    && var q := s.requests[r.ticket];
       && q.key in store && q.start <= q.end <= |store[q.key]|
       && match r.load {
            case Some(p) =>
              && Served(s.promises, q, p)
              && r.result == match s.promises[p].outcome.value {
                   case Ok(_) => Ok(store[q.key][q.start..q.end])
                   case Err(reason) => Err(LoadFailed(reason))
                 }
            case None =>
              && r.result == Err(InvalidGapOption)
              && exists b :: 0 <= b < |s.buffers| && s.buffers[b].key == q.key && BadGapOption(s.buffers[b])
          }
  }

  /** The gap option lies outside what the client allows. */
  ghost predicate BadGapOption(b: Buffer)
  {
    b.maxRangeGapBytes < 0 || b.maxRangeGapBytes > b.maxRangeBytes
  }

  ghost predicate CacheOk(s: System)
  {
    && Runs.Valid(s.cache)
    && (forall e :: e in s.cache.ranges ==> EntryOk(e, s.promises))
  }

  ghost predicate PartsOk(s: System, store: Store)
  {
    && (forall b :: 0 <= b < |s.buffers| ==> BufferOk(s.buffers[b], s.requests, store))
    && (forall p :: 0 <= p < |s.promises| ==> LoadOk(s.promises[p], store))
    && (forall w :: 0 <= w < |s.waiters| ==> WaiterOk(s.waiters[w], s.promises, s.requests))
    && (forall i :: 0 <= i < |s.replies| ==> ReplyOk(s.replies[i], s, store))
  }

  ghost predicate Inv(s: System, store: Store)
  {
    CacheOk(s) && PartsOk(s, store) && Conserved(s)
  }

  lemma InitialInv(s: System, store: Store)
    requires Initial(s, store)
    ensures Inv(s, store)
  {
    NoTickets(s.buffers);
  }

  lemma {:induction false} NoTickets(buffers: seq<Buffer>)
    requires forall b :: 0 <= b < |buffers| ==> buffers[b].pending == []
    ensures Bag(buffers, BufferTickets) == multiset{}
  {
    if buffers != [] {
      NoTickets(buffers[1..]);
      assert buffers[0].pending == [];
    }
  }

  // ---------- growth never disturbs what is already there ----------

  /** More requests and more or further loads; buffers keep their options. */
  ghost predicate Extends(s: System, s': System)
  {
    && s.requests <= s'.requests
    && |s.promises| <= |s'.promises|
    && (forall p :: 0 <= p < |s.promises| ==>
          && s'.promises[p].key == s.promises[p].key
          && s'.promises[p].start == s.promises[p].start && s'.promises[p].end == s.promises[p].end
          && (s.promises[p].outcome.Some? ==> s'.promises[p].outcome == s.promises[p].outcome))
    && |s.buffers| == |s'.buffers|
    && (forall b :: 0 <= b < |s.buffers| ==>
          s'.buffers[b] == s.buffers[b].(pending := s'.buffers[b].pending, flushScheduled := s'.buffers[b].flushScheduled))
  }

  lemma WaiterStays(w: Waiter, s: System, s': System)
    requires WaiterOk(w, s.promises, s.requests) && Extends(s, s')
    ensures WaiterOk(w, s'.promises, s'.requests)
  {
  }

  lemma ReplyStays(r: Reply, s: System, s': System, store: Store)
    requires ReplyOk(r, s, store) && Extends(s, s')
    ensures ReplyOk(r, s', store)
  {
    var q := s.requests[r.ticket];
    assert s'.requests[r.ticket] == q;
    if r.load.None? {
      var b :| 0 <= b < |s.buffers| && s.buffers[b].key == q.key && BadGapOption(s.buffers[b]);
      assert BadGapOption(s'.buffers[b]);
    }
  }

  lemma PartsStay(s: System, s': System, store: Store)
    requires PartsOk(s, store) && Extends(s, s')
    ensures forall w :: 0 <= w < |s.waiters| ==> WaiterOk(s.waiters[w], s'.promises, s'.requests)
    ensures forall i :: 0 <= i < |s.replies| ==> ReplyOk(s.replies[i], s', store)
    ensures forall e :: EntryOk(e, s.promises) ==> EntryOk(e, s'.promises)
    ensures forall b :: 0 <= b < |s.buffers| ==> BufferOk(s.buffers[b], s'.requests, store)
  {
    forall w | 0 <= w < |s.waiters| ensures WaiterOk(s.waiters[w], s'.promises, s'.requests) {
      WaiterStays(s.waiters[w], s, s');
    }
    forall i | 0 <= i < |s.replies| ensures ReplyOk(s.replies[i], s', store) {
      ReplyStays(s.replies[i], s, s', store);
    }
    forall b | 0 <= b < |s.buffers| ensures BufferOk(s.buffers[b], s'.requests, store) {
      BufferStays(s.buffers[b], s.requests, s'.requests, store);
    }
  }

  lemma BufferStays(b: Buffer, requests: seq<Request>, requests': seq<Request>, store: Store)
    requires BufferOk(b, requests, store) && requests <= requests'
    ensures BufferOk(b, requests', store)
  {
  }

  // ---------- slice ----------

  lemma SliceInv(s: System, b: nat, start: int, end: int, store: Store)
    requires Inv(s, store) && b < |s.buffers|
    ensures Inv(SliceStep(s, b, start, end), store)
  {
    hide CacheOk, PartsOk, Conserved;
    if Admit(s.buffers[b], start, end).Rejected? {
      assert SliceStep(s, b, start, end) == s;
    } else {
      SliceParts(s, b, start, end, store);
      SliceConserved(s, b, start, end);
    }
  }

  lemma SliceConserved(s: System, b: nat, start: int, end: int)
    requires Conserved(s) && b < |s.buffers| && !Admit(s.buffers[b], start, end).Rejected?
    ensures Conserved(SliceStep(s, b, start, end))
  {
    hide Bag;
    var s', buffer, ticket := SliceStep(s, b, start, end), s.buffers[b], |s.requests|;
    var read := Read(start, end, ticket);
    if Admit(buffer, start, end).Direct? {
      var w := Waiter(|s.promises|, start, CoalescedRange(start, end, 0, [read]));
      BagSnoc(s.waiters, w, WaiterTickets);
      BagSingle(read, TicketOf);
      assert Waiting(s') == Waiting(s) + multiset{ticket};
    } else {
      QueuedTicket(s.buffers, b, read);
      assert Pending(s') == Pending(s) + multiset{ticket};
    }
  }

  lemma QueuedTicket(buffers: seq<Buffer>, b: nat, read: Read)
    requires b < |buffers|
    ensures Bag(buffers[b := Enqueue(buffers[b], read)], BufferTickets) == Bag(buffers, BufferTickets) + multiset{read.ticket}
  {
    hide Bag;
    var buffer, after := buffers[b], buffers[b := Enqueue(buffers[b], read)];
    BagUpdate(buffers, b, Enqueue(buffer, read), BufferTickets);
    BagSnoc(buffer.pending, read, TicketOf);
    Cancel(Bag(after, BufferTickets), Bag(buffers, BufferTickets) + multiset{read.ticket}, BufferTickets(buffer));
  }

  lemma SliceParts(s: System, b: nat, start: int, end: int, store: Store)
    requires CacheOk(s) && PartsOk(s, store) && b < |s.buffers| && !Admit(s.buffers[b], start, end).Rejected?
    ensures CacheOk(SliceStep(s, b, start, end)) && PartsOk(SliceStep(s, b, start, end), store)
  {
    hide Runs.Valid, ReplyOk, LoadOk, WaiterOk, BufferOk, Admit;
    var s' := SliceStep(s, b, start, end);
    PartsStay(s, s', store);
    AdmittedOk(s, b, start, end, store);
  }

  lemma AdmittedOk(s: System, b: nat, start: int, end: int, store: Store)
    requires b < |s.buffers| && BufferOk(s.buffers[b], s.requests, store) && !Admit(s.buffers[b], start, end).Rejected?
    ensures 0 <= start < end
    ensures var s', buffer, read := SliceStep(s, b, start, end), s.buffers[b], Read(start, end, |s.requests|);
            if Admit(buffer, start, end).Direct? then
              LoadOk(Load(buffer.key, start, end, None), store)
              && WaiterOk(Waiter(|s.promises|, start, CoalescedRange(start, end, 0, [read])), s'.promises, s'.requests)
            else BufferOk(Enqueue(buffer, read), s'.requests, store)
  {
  }

  // ---------- flush ----------

  /** Issuing a range of reads that were asked for keeps everything in order and moves their tickets. */
  lemma IssueInv(s: System, key: ObjectKey, range: CoalescedRange, store: Store)
    requires CacheOk(s) && PartsOk(s, store)
    requires RangeOk(range, key, s.requests, store)
    ensures var s' := Issue(s, key, range);
            && CacheOk(s') && PartsOk(s', store)
            && s'.buffers == s.buffers && s'.requests == s.requests && s'.replies == s.replies
            && Waiting(s') == Waiting(s) + TicketsIn(range.members)
  {
    var s', p := Issue(s, key, range), |s.promises|;
    Runs.ReadValid(s.cache, key, range.start, range.end, p);
    hide Runs.Valid, Bag;
    if RangeCache.Read(s.cache, key, range.start, range.end, p).outcome.Hit? {
      HitEntry(s, key, range, p);
    } else {
      LoadingEntries(s, key, range, p);
    }
    IssueParts(s, key, range, store);
    BagSnoc(s.waiters, s'.waiters[|s.waiters|], WaiterTickets);
  }

  lemma IssueParts(s: System, key: ObjectKey, range: CoalescedRange, store: Store)
    requires CacheOk(s) && PartsOk(s, store)
    requires RangeOk(range, key, s.requests, store)
    ensures PartsOk(Issue(s, key, range), store)
  {
    hide Runs.Valid;
    var s', p := Issue(s, key, range), |s.promises|;
    if RangeCache.Read(s.cache, key, range.start, range.end, p).outcome.Hit? {
      HitEntry(s, key, range, p);
    }
    hide RangeCache.Read;
    PartsStay(s, s', store);
    hide BufferOk, ReplyOk;
    assert WaiterOk(s'.waiters[|s.waiters|], s'.promises, s'.requests);
  }

  ghost predicate RangeOk(range: CoalescedRange, key: ObjectKey, requests: seq<Request>, store: Store)
  {
    && key in store && range.start <= range.end <= |store[key]|
    && forall i :: 0 <= i < |range.members| ==>
         && Asked(requests, key, range.members[i])
         && range.start <= range.members[i].start <= range.members[i].end <= range.end
  }

  lemma HitEntry(s: System, key: ObjectKey, range: CoalescedRange, p: nat)
    requires CacheOk(s) && RangeCache.Read(s.cache, key, range.start, range.end, p).outcome.Hit?
    ensures var r := RangeCache.Read(s.cache, key, range.start, range.end, p);
            && EntryOk(r.outcome.entry, s.promises)
            && RangeCache.CoversRange(r.outcome.entry, key, range.start, range.end)
            && (forall e :: e in r.cache.ranges ==> EntryOk(e, s.promises))
  {
    hide Runs.Valid;
    var i := RangeCache.Covering(s.cache.ranges, key, range.start, range.end).value;
    assert s.cache.ranges[i] in s.cache.ranges;
  }

  lemma LoadingEntries(s: System, key: ObjectKey, range: CoalescedRange, p: nat)
    requires CacheOk(s) && range.start <= range.end && p == |s.promises|
    requires !RangeCache.Read(s.cache, key, range.start, range.end, p).outcome.Hit?
    ensures forall e :: e in RangeCache.Read(s.cache, key, range.start, range.end, p).cache.ranges ==>
              EntryOk(e, s.promises + [Load(key, range.start, range.end, None)])
  {
    Runs.ReadValid(s.cache, key, range.start, range.end, p);
    hide Runs.Valid;
    var r := RangeCache.Read(s.cache, key, range.start, range.end, p);
    if r.outcome.Loading? {
      assert r.cache.ranges == s.cache.ranges + [r.outcome.entry];
    }
  }

  ghost function RangeTickets(c: CoalescedRange): multiset<nat> { TicketsIn(c.members) }

  lemma {:induction false} IssueAllInv(s: System, key: ObjectKey, ranges: seq<CoalescedRange>, store: Store)
    requires CacheOk(s) && PartsOk(s, store)
    requires forall k :: 0 <= k < |ranges| ==> RangeOk(ranges[k], key, s.requests, store)
    ensures var s' := IssueAll(s, key, ranges);
            && CacheOk(s') && PartsOk(s', store)
            && s'.buffers == s.buffers && s'.requests == s.requests && s'.replies == s.replies
            && Waiting(s') == Waiting(s) + Bag(ranges, RangeTickets)
    decreases ranges
  {
    hide CacheOk, PartsOk;
    if ranges != [] {
      IssueInv(s, key, ranges[0], store);
      IssueAllInv(Issue(s, key, ranges[0]), key, ranges[1..], store);
    }
  }

  /** What the coalescer promises, in the form the client needs. */
  lemma CoalescedRangesOk(b: Buffer, requests: seq<Request>, store: Store)
    requires BufferOk(b, requests, store) && ValidGapOption(b)
    ensures var ranges := Coalesced(SortReads(b.pending), LimitsOf(b));
            && (forall k :: 0 <= k < |ranges| ==> RangeOk(ranges[k], b.key, requests, store))
            && Bag(ranges, RangeTickets) == BufferTickets(b)
  {
    var sorted := SortReads(b.pending);
    var ranges := Coalesced(sorted, LimitsOf(b));
    SortedByComparator(b.pending);
    SortedAccepted(b, requests, store);
    CoalescedSound(sorted, LimitsOf(b));
    hide Bag, Coalesced, Feasible, Greedy, BufferOk;
    forall k | 0 <= k < |ranges| ensures RangeOk(ranges[k], b.key, requests, store) {
      RangeOfAskedReads(b, ranges, k, requests, store);
    }
    BagPermutation(b.pending, sorted, TicketOf);
    BagFlatten(Groups(ranges), TicketOf, TicketsIn);
    GroupTickets(ranges);
  }

  lemma SortedAccepted(b: Buffer, requests: seq<Request>, store: Store)
    requires BufferOk(b, requests, store) && ValidGapOption(b)
    ensures Accepted(SortReads(b.pending), LimitsOf(b))
  {
    var sorted := SortReads(b.pending);
    forall i | 0 <= i < |sorted| ensures sorted[i] in b.pending {
      assert sorted[i] in multiset(sorted);
    }
  }

  lemma RangeOfAskedReads(b: Buffer, ranges: seq<CoalescedRange>, k: nat, requests: seq<Request>, store: Store)
    requires BufferOk(b, requests, store) && k < |ranges| && Exact(ranges[k])
    requires Flatten(Groups(ranges)) == SortReads(b.pending) && SortedReads(SortReads(b.pending))
    ensures RangeOk(ranges[k], b.key, requests, store)
  {
    hide Flatten, SortReads, SortedReads, Uncovered;
    var members := ranges[k].members;
    MembersPending(b.pending, Groups(ranges), k);
    MaxEndAttained(members);
    var m :| 0 <= m < |members| && members[m].end == MaxEnd(members);
    assert members[m] in b.pending && members[0] in b.pending;
  }

  /** The reads of a group are pending reads, and the first has the smallest start. */
  lemma MembersPending(pending: seq<Read>, groups: seq<seq<Read>>, k: nat)
    requires k < |groups| && Flatten(groups) == SortReads(pending) && SortedReads(SortReads(pending))
    ensures forall i :: 0 <= i < |groups[k]| ==> groups[k][i] in pending && groups[k][0].start <= groups[k][i].start
  {
    hide Flatten;
    var sorted, members := SortReads(pending), groups[k];
    FlattenSlice(groups, k);
    var at := |Flatten(groups[..k])|;
    forall i | 0 <= i < |members| ensures members[i] in pending && members[0].start <= members[i].start {
      assert members[i] == sorted[at + i] && members[0] == sorted[at];
      assert sorted[at + i] in multiset(sorted);
    }
  }

  lemma {:induction false} GroupTickets(ranges: seq<CoalescedRange>)
    ensures Bag(Groups(ranges), TicketsIn) == Bag(ranges, RangeTickets)
  {
    if ranges != [] {
      GroupTickets(ranges[1..]);
      assert Groups(ranges)[1..] == Groups(ranges[1..]);
    }
  }

  lemma DrainedOk(s: System, b: nat, store: Store)
    requires CacheOk(s) && PartsOk(s, store) && b < |s.buffers|
    ensures var s0 := s.(buffers := s.buffers[b := Drained(s.buffers[b])]);
            CacheOk(s0) && PartsOk(s0, store)
  {
    hide Runs.Valid;
    var buffer := s.buffers[b];
    var s0 := s.(buffers := s.buffers[b := Drained(buffer)]);
    assert BufferOk(buffer, s.requests, store);
    assert BufferOk(Drained(buffer), s.requests, store);
    PartsStay(s, s0, store);
    hide BufferOk, ReplyOk, WaiterOk, LoadOk;
  }

  lemma DrainedTickets(s: System, b: nat)
    requires b < |s.buffers|
    ensures Pending(s.(buffers := s.buffers[b := Drained(s.buffers[b])])) + BufferTickets(s.buffers[b]) == Pending(s)
  {
    BagUpdate(s.buffers, b, Drained(s.buffers[b]), BufferTickets);
    assert BufferTickets(Drained(s.buffers[b])) == multiset{};
  }

  lemma BufferAt(s: System, b: nat, store: Store)
    requires PartsOk(s, store) && b < |s.buffers|
    ensures BufferOk(s.buffers[b], s.requests, store)
  {
  }

  lemma FlushInv(s: System, b: nat, store: Store)
    requires Inv(s, store) && b < |s.buffers|
    ensures Inv(FlushStep(s, b), store)
  {
    hide CacheOk, PartsOk, BufferOk, Bag, Coalesced, IssueAll, SortReads;
    var buffer := s.buffers[b];
    var s0 := s.(buffers := s.buffers[b := Drained(buffer)]);
    DrainedOk(s, b, store);
    DrainedTickets(s, b);
    BufferAt(s, b, store);
    if ValidGapOption(buffer) {
      CoalescedRangesOk(buffer, s.requests, store);
      IssueAllInv(s0, buffer.key, Coalesced(SortReads(buffer.pending), LimitsOf(buffer)), store);
    } else {
      FailAllReplies(s, s0, b, store);
      SameCache(s0, FlushStep(s, b));
    }
  }

  lemma SameCache(s: System, s': System)
    requires CacheOk(s) && s'.cache == s.cache && s'.promises == s.promises
    ensures CacheOk(s')
  {
  }

  lemma FailAllReplies(s: System, s0: System, b: nat, store: Store)
    requires PartsOk(s, store) && b < |s.buffers| && !ValidGapOption(s.buffers[b])
    requires s0 == s.(buffers := s.buffers[b := Drained(s.buffers[b])]) && PartsOk(s0, store)
    ensures PartsOk(FlushStep(s, b), store)
    ensures Answered(FlushStep(s, b)) == Answered(s) + BufferTickets(s.buffers[b])
  {
    hide ReplyOk, WaiterOk, LoadOk, BufferOk, Bag;
    var buffer, s' := s.buffers[b], FlushStep(s, b);
    var failures := FailAll(buffer.pending, InvalidGapOption);
    PartsStay(s0, s', store);
    forall i | 0 <= i < |s'.replies| ensures ReplyOk(s'.replies[i], s', store) {
      if i >= |s.replies| { FailureReplyOk(s, s', b, i - |s.replies|, store); }
    }
    BagAppend(s.replies, failures, ReplyTicket);
    RepliesCarryTickets(failures, buffer.pending);
  }

  lemma FailureReplyOk(s: System, s': System, b: nat, i: nat, store: Store)
    requires b < |s.buffers| && BufferOk(s.buffers[b], s.requests, store) && i < |s.buffers[b].pending|
    requires !ValidGapOption(s.buffers[b]) && s'.requests == s.requests && s'.buffers == s.buffers[b := Drained(s.buffers[b])]
    ensures ReplyOk(FailAll(s.buffers[b].pending, InvalidGapOption)[i], s', store)
  {
    assert Asked(s.requests, s.buffers[b].key, s.buffers[b].pending[i]);
    assert BadGapOption(s'.buffers[b]) && s'.buffers[b].key == s.buffers[b].key;
  }

  lemma {:induction false} RepliesCarryTickets(replies: seq<Reply>, batch: seq<Read>)
    requires |replies| == |batch|
    requires forall i :: 0 <= i < |batch| ==> replies[i].ticket == batch[i].ticket
    ensures Bag(replies, ReplyTicket) == TicketsIn(batch)
  {
    if batch != [] {
      RepliesCarryTickets(replies[1..], batch[1..]);
      assert replies[0].ticket == batch[0].ticket;
    }
  }

  // ---------- loads and callbacks ----------

  lemma LoadInv(s: System, p: nat, outcome: Result<seq<Byte>, nat>, store: Store)
    requires Inv(s, store) && Enabled(s, LoadEvent(p, outcome), store)
    ensures Inv(LoadStep(s, p, outcome), store)
  {
    hide Runs.Valid, Bag;
    PartsStay(s, LoadStep(s, p, outcome), store);
  }

  lemma CallbackInv(s: System, p: nat, store: Store)
    requires Inv(s, store) && Enabled(s, CallbackEvent(p), store)
    ensures Inv(CallbackStep(s, p), store)
  {
    hide CacheOk, ReplyOk, WaiterOk, LoadOk, BufferOk, Bag, Sum;
    CallbackCache(s, p);
    PartsStay(s, CallbackStep(s, p), store);
  }

  lemma CallbackCache(s: System, p: nat)
    requires CacheOk(s) && p < |s.promises| && s.promises[p].outcome.Some?
    ensures CacheOk(CallbackStep(s, p))
  {
    hide Sum;
    var at := RangeCache.Find(s.cache.ranges, p);
    if at.Some? {
      assert s.cache.ranges[at.value] in s.cache.ranges;
      if s.promises[p].outcome.value.Ok? {
        Runs.SucceedEffect(s.cache, p, at.value);
      } else {
        Runs.DropStructure(s.cache, at.value);
      }
    }
  }

  // ---------- delivery ----------

  lemma SubSlice(bytes: seq<Byte>, lo: nat, hi: nat, from: nat, to: nat)
    requires lo <= from <= to <= hi <= |bytes|
    ensures SliceBytes(bytes[lo..hi], from - lo, to - lo) == bytes[from..to]
  {
    SliceOfSlice(bytes, lo, hi, from, to);
  }

  lemma AnswerOk(s: System, w: Waiter, i: nat, store: Store)
    requires PartsOk(s, store) && WaiterOk(w, s.promises, s.requests) && i < |w.range.members|
    requires s.promises[w.promise].outcome.Some?
    ensures ReplyOk(Answer(w, w.range.members[i], s.promises[w.promise].outcome.value), s, store)
  {
    var l, read := s.promises[w.promise], w.range.members[i];
    assert LoadOk(l, store);
    assert Asked(s.requests, l.key, read);
    var q := s.requests[read.ticket];
    if l.outcome.value.Ok? {
      var bytes := store[l.key];
      SubSlice(bytes, l.start, l.end, w.range.start, w.range.end);
      SubSlice(bytes, w.range.start, w.range.end, read.start, read.end);
    }
  }

  lemma DeliverParts(s: System, w: nat, store: Store)
    requires PartsOk(s, store) && Enabled(s, DeliverEvent(w), store)
    ensures PartsOk(DeliverStep(s, w), store)
  {
    hide ReplyOk, WaiterOk, LoadOk, BufferOk, Answer;
    var waiter, s' := s.waiters[w], DeliverStep(s, w);
    PartsStay(s, s', store);
    assert WaiterOk(waiter, s.promises, s.requests);
    forall i | 0 <= i < |s'.replies| ensures ReplyOk(s'.replies[i], s', store) {
      if i >= |s.replies| {
        AnswerOk(s, waiter, i - |s.replies|, store);
        ReplyStays(s'.replies[i], s, s', store);
      }
    }
  }

  lemma DeliverInv(s: System, w: nat, store: Store)
    requires Inv(s, store) && Enabled(s, DeliverEvent(w), store)
    ensures Inv(DeliverStep(s, w), store)
  {
    hide CacheOk, PartsOk, Bag;
    var waiter := s.waiters[w];
    var outcome := s.promises[waiter.promise].outcome.value;
    DeliverParts(s, w, store);
    SameCache(s, DeliverStep(s, w));
    BagRemove(s.waiters, w, WaiterTickets);
    BagAppend(s.replies, Answers(waiter, outcome), ReplyTicket);
    RepliesCarryTickets(Answers(waiter, outcome), waiter.range.members);
  }

  // ---------- runs ----------

  lemma {:induction false} RunInv(start: System, events: seq<Event>, store: Store)
    requires Initial(start, store)
    ensures Inv(After(start, events, store), store)
  {
    hide Inv, Step;
    if events == [] {
      InitialInv(start, store);
    } else {
      var n := |events| - 1;
      RunInv(start, events[..n], store);
      var s := After(start, events[..n], store);
      if Enabled(s, events[n], store) { StepInv(s, events[n], store); }
    }
  }

  /** Every reply over every run is the plain read of the object, or the error of the load its caller awaited. */
  lemma RefinesPlainRead(start: System, events: seq<Event>, store: Store, i: nat)
    requires Initial(start, store)
    requires i < |After(start, events, store).replies|
    ensures ReplyOk(After(start, events, store).replies[i], After(start, events, store), store)
  {
    RunInv(start, events, store);
  }

  /** A timer is outstanding for a buffer exactly while reads are pending in it. */
  lemma FlushScheduledIffPending(start: System, events: seq<Event>, store: Store, b: nat)
    requires Initial(start, store)
    requires b < |After(start, events, store).buffers|
    ensures var buffer := After(start, events, store).buffers[b];
            buffer.pending != [] <==> buffer.flushScheduled
  {
    RunInv(start, events, store);
  }

  /** Each accepted slice is pending once, or awaited once, or answered once, and never two of these. */
  lemma ExactlyOnePlace(start: System, events: seq<Event>, store: Store, ticket: nat)
    requires Initial(start, store)
    requires ticket < |After(start, events, store).requests|
    ensures var s := After(start, events, store);
            Pending(s)[ticket] + Waiting(s)[ticket] + Answered(s)[ticket] == 1
  {
    RunInv(start, events, store);
    var s := After(start, events, store);
    UpToCount(|s.requests|, ticket);
    assert (Pending(s) + Waiting(s) + Answered(s))[ticket] == 1;
  }

  /** While a slice is unanswered some event can happen: no ticket is stranded. */
  lemma Progress(start: System, events: seq<Event>, store: Store, ticket: nat) returns (ev: Event)
    requires Initial(start, store)
    requires var s := After(start, events, store);
             ticket < |s.requests| && Answered(s)[ticket] == 0
    ensures Enabled(After(start, events, store), ev, store)
    ensures !ev.SliceEvent? && !ev.CallbackEvent?
  {
    RunInv(start, events, store);
    ExactlyOnePlace(start, events, store, ticket);
    var s := After(start, events, store);
    if Pending(s)[ticket] == 1 {
      var b := Holder(s.buffers, BufferTickets, ticket);
      assert BufferOk(s.buffers[b], s.requests, store);
      assert s.buffers[b].pending != [];
      ev := FlushEvent(b);
    } else {
      var w := Holder(s.waiters, WaiterTickets, ticket);
      assert WaiterOk(s.waiters[w], s.promises, s.requests);
      var p := s.waiters[w].promise;
      ev := if s.promises[p].outcome.Some? then DeliverEvent(w) else LoadEvent(p, Err(0));
    }
  }

  lemma {:induction false} Holder<T>(s: seq<T>, f: T -> multiset<nat>, t: nat) returns (i: nat)
    requires Bag(s, f)[t] > 0
    ensures i < |s| && f(s[i])[t] > 0
  {
    if f(s[0])[t] > 0 {
      i := 0;
    } else {
      var j := Holder(s[1..], f, t);
      i := j + 1;
    }
  }

  // ---------- every run comes to rest ----------

  ghost function BufferWork(b: Buffer): int { 4 * |b.pending| }

  ghost function LoadWork(l: Load): int { if l.outcome.None? then 1 else 0 }

  /** What is left to do: flushes of pending reads, unfinished loads, callbacks and deliveries. */
  ghost function Work(s: System): int
  {
    Sum(s.buffers, BufferWork) + IssuedWork(s)
  }

  ghost function IssuedWork(s: System): int
  {
    Sum(s.promises, LoadWork) + |s.due| + |s.waiters|
  }

  lemma WorkNatural(s: System)
    ensures Work(s) >= 0
  {
    SumNatural(s.buffers, BufferWork);
    SumNatural(s.promises, LoadWork);
  }

  lemma {:induction false} SumNatural<T>(s: seq<T>, weight: T -> int)
    requires forall x :: x in s ==> weight(x) >= 0
    ensures Sum(s, weight) >= 0
  {
    if s != [] { SumNatural(s[1..], weight); }
  }

  lemma IssueWork(s: System, key: ObjectKey, range: CoalescedRange)
    ensures IssuedWork(Issue(s, key, range)) <= IssuedWork(s) + 3
    ensures var s' := Issue(s, key, range); s'.buffers == s.buffers && s'.replies == s.replies && s'.requests == s.requests
  {
    hide Sum;
    var l := Load(key, range.start, range.end, None);
    SumAppend(s.promises, [l], LoadWork);
    SumSingle(l, LoadWork);
  }

  lemma {:induction false} IssueAllWork(s: System, key: ObjectKey, ranges: seq<CoalescedRange>)
    ensures IssuedWork(IssueAll(s, key, ranges)) <= IssuedWork(s) + 3 * |ranges|
    ensures var s' := IssueAll(s, key, ranges); s'.buffers == s.buffers && s'.replies == s.replies && s'.requests == s.requests
    decreases |ranges|
  {
    hide IssuedWork, Issue;
    if ranges != [] {
      IssueWork(s, key, ranges[0]);
      IssueAllWork(Issue(s, key, ranges[0]), key, ranges[1..]);
    }
  }

  /** Coalescing never issues more requests than there are reads. */
  lemma {:induction false} NoMoreRangesThanReads(sorted: seq<Read>, limits: Limits)
    ensures |Coalesced(sorted, limits)| <= |sorted|
  {
    if sorted != [] { NoMoreRangesThanReads(sorted[..|sorted| - 1], limits); }
  }

  lemma FlushWork(s: System, b: nat, store: Store)
    requires PartsOk(s, store) && b < |s.buffers| && s.buffers[b].flushScheduled
    ensures var s' := FlushStep(s, b); Work(s') < Work(s) && s.replies <= s'.replies && s'.requests == s.requests
  {
    var buffer := s.buffers[b];
    assert BufferOk(buffer, s.requests, store);
    hide Sum, IssueAll, Coalesced, PartsOk, BufferOk, SortReads;
    var s0 := s.(buffers := s.buffers[b := Drained(buffer)]);
    SumUpdate(s.buffers, b, Drained(buffer), BufferWork);
    if ValidGapOption(buffer) {
      var sorted := SortReads(buffer.pending);
      assert |sorted| == |multiset(sorted)| == |multiset(buffer.pending)| == |buffer.pending|;
      NoMoreRangesThanReads(sorted, LimitsOf(buffer));
      IssueAllWork(s0, buffer.key, Coalesced(sorted, LimitsOf(buffer)));
    }
  }

  /** Every event other than a slice leaves less to do, keeps the replies given, and accepts nothing. */
  lemma WorkDecreases(s: System, ev: Event, store: Store)
    requires Inv(s, store) && Enabled(s, ev, store) && !ev.SliceEvent?
    ensures var s' := Step(s, ev, store); Work(s') < Work(s) && s.replies <= s'.replies && s'.requests == s.requests
  {
    hide Sum, PartsOk, CacheOk, Conserved, FlushStep;
    match ev {
      case FlushEvent(b) => FlushWork(s, b, store);
      case LoadEvent(p, outcome) => SumUpdate(s.promises, p, s.promises[p].(outcome := Some(outcome)), LoadWork);
      case CallbackEvent(p) => assert |s.due - {p}| == |s.due| - 1;
      case DeliverEvent(w) =>
    }
  }

  /** Events that can all happen one after the other, none of them a slice. */
  ghost predicate Moves(s: System, events: seq<Event>, store: Store)
  {
    forall i :: 0 <= i < |events| ==> !events[i].SliceEvent? && Enabled(After(s, events[..i], store), events[i], store)
  }

  /** Nothing can happen but another slice. */
  ghost predicate Resting(s: System, store: Store)
  {
    forall ev :: Enabled(s, ev, store) ==> ev.SliceEvent?
  }

  lemma StepInv(s: System, ev: Event, store: Store)
    requires Inv(s, store) && Enabled(s, ev, store)
    ensures Inv(Step(s, ev, store), store)
  {
    hide Inv;
    match ev {
      case SliceEvent(b, from, to) => SliceInv(s, b, from, to, store);
      case FlushEvent(b) => FlushInv(s, b, store);
      case LoadEvent(p, outcome) => LoadInv(s, p, outcome, store);
      case CallbackEvent(p) => CallbackInv(s, p, store);
      case DeliverEvent(w) => DeliverInv(s, w, store);
    }
  }

  /** Once slices stop, at most `Work` further events happen. */
  lemma {:induction false} RestWithinWork(s: System, events: seq<Event>, store: Store)
    requires Inv(s, store) && Moves(s, events, store)
    ensures var s' := After(s, events, store);
            && |events| + Work(s') <= Work(s) && Inv(s', store)
            && s.replies <= s'.replies && s'.requests == s.requests
  {
    hide Inv, Work, Step;
    if events != [] {
      var n := |events| - 1;
      var before := events[..n];
      assert forall i :: 0 <= i < n ==> before[..i] == events[..i];
      RestWithinWork(s, before, store);
      var m := After(s, before, store);
      assert Enabled(m, events[n], store);
      StepInv(m, events[n], store);
      WorkDecreases(m, events[n], store);
    }
  }

  lemma {:induction false} AfterAppend(s: System, x: seq<Event>, y: seq<Event>, store: Store)
    ensures After(s, x + y, store) == After(After(s, x, store), y, store)
    decreases |y|
  {
    hide Step, Enabled;
    if y == [] {
      assert x + y == x;
    } else {
      var n := |y| - 1;
      assert (x + y)[..|x| + n] == x + y[..n];
      AfterAppend(s, x, y[..n], store);
    }
  }

  /** From every state a rest can be reached. */
  lemma {:induction false} ReachesRest(s: System, store: Store) returns (events: seq<Event>)
    requires Inv(s, store)
    ensures Moves(s, events, store) && Resting(After(s, events, store), store)
    decreases Work(s)
  {
    hide Inv, Work, Step, Enabled;
    events := [];
    if ev :| Enabled(s, ev, store) && !ev.SliceEvent? {
      StepInv(s, ev, store);
      WorkDecreases(s, ev, store);
      WorkNatural(Step(s, ev, store));
      var rest := ReachesRest(Step(s, ev, store), store);
      events := [ev] + rest;
      OneMove(s, ev, store);
      AfterAppend(s, [ev], rest, store);
      forall i | 0 <= i < |events| ensures !events[i].SliceEvent? && Enabled(After(s, events[..i], store), events[i], store) {
        if i > 0 {
          assert events[..i] == [ev] + rest[..i - 1];
          AfterAppend(s, [ev], rest[..i - 1], store);
        }
      }
    }
  }

  lemma OneMove(s: System, ev: Event, store: Store)
    requires Enabled(s, ev, store)
    ensures After(s, [ev], store) == Step(s, ev, store)
  {
    assert [ev][..0] == [];
  }

  /** A reply is the only one with its ticket. */
  ghost predicate OnlyReply(replies: seq<Reply>, i: nat)
  {
    i < |replies| && forall j :: 0 <= j < |replies| && j != i ==> replies[j].ticket != replies[i].ticket
  }

  lemma CountedOnce(replies: seq<Reply>, i: nat)
    requires i < |replies| && Bag(replies, ReplyTicket)[replies[i].ticket] == 1
    ensures OnlyReply(replies, i)
  {
    hide Bag;
    BagRemove(replies, i, ReplyTicket);
    var rest := RemoveAt(replies, i);
    forall j | 0 <= j < |replies| && j != i ensures replies[j].ticket != replies[i].ticket {
      var k := if j < i then j else j - 1;
      assert rest[k] == replies[j];
      BagRemove(rest, k, ReplyTicket);
      assert (Bag(RemoveAt(rest, k), ReplyTicket) + ReplyTicket(rest[k]) + ReplyTicket(replies[i]))[replies[i].ticket] == 1;
    }
  }

  /**
   Every accepted slice settles exactly once. Whatever happened before, once slices stop the client
   comes to rest within `Work` events, and then each slice ever accepted has exactly one reply: the
   plain read of its request, or the error of the load it awaited.
   */
  lemma {:induction false} EverySliceSettlesOnce(start: System, events: seq<Event>, more: seq<Event>, store: Store, ticket: nat) returns (i: nat)
    requires Initial(start, store)
    requires var s := After(start, events, store);
             Moves(s, more, store) && Resting(After(s, more, store), store) && ticket < |s.requests|
    ensures var s := After(start, events, store); var s' := After(s, more, store);
            && |more| <= Work(s)
            && OnlyReply(s'.replies, i) && s'.replies[i].ticket == ticket && ReplyOk(s'.replies[i], s', store)
  {
    hide Inv, Work, After, Enabled, ReplyOk;
    RunInv(start, events, store);
    var s := After(start, events, store);
    RestWithinWork(s, more, store);
    var s' := After(s, more, store);
    WorkNatural(s');
    AfterAppend(start, events, more, store);
    ExactlyOnePlace(start, events + more, store, ticket);
    if Answered(s')[ticket] == 0 {
      var ev := Progress(start, events + more, store, ticket);
      assert false;
    }
    i := ReplyFor(s', ticket);
    CountedOnce(s'.replies, i);
    RefinesPlainRead(start, events + more, store, i);
  }

  lemma ReplyFor(s: System, ticket: nat) returns (i: nat)
    requires Answered(s)[ticket] > 0
    ensures i < |s.replies| && s.replies[i].ticket == ticket
  {
    i := Holder(s.replies, ReplyTicket, ticket);
  }
}
